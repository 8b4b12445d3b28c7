/** What the ranking of internal/extract/otp.go means, read off the text: no weights, only how
    near a context word stands, whether one leads in, how many digits there are, and where. */
module Ranking {
  import opened Base
  import opened Runes
  import opened Spans
  import opened Otp

  // ----- Places of codes -----

  predicate Digits(code: Text) { forall k :: 0 <= k < |code| ==> '0' <= code[k] as char <= '9' }

  /** Neither neighbour is a letter or a digit of any script. */
  predicate Alone(u: Decoder, hay: Text, at: Span) {
    && at.start <= at.end <= |hay|
    && (at.start == 0 || !u.lastIsWord(hay[..at.start])) && (at.end == |hay| || !u.firstIsWord(hay[at.end..]))
  }

  /** A word of the vocabulary, standing alone. */
  ghost predicate WordPlace(u: Decoder, hay: Text, vocabulary: seq<Text>, w: Span) {
    Alone(u, hay, w) && hay[w.start..w.end] in vocabulary
  }

  lemma WordsArePlaces(u: Decoder, hay: Text, vocabulary: seq<Text>, w: Span)
    ensures ContextWordAt(u, hay, vocabulary, w) <==> WordPlace(u, hay, vocabulary, w)
  {
    if WordPlace(u, hay, vocabulary, w) {
      var word := hay[w.start..w.end];
      assert w.start + |word| == w.end;
      assert WordAt(u, hay, word, w);
    }
  }

  /** Four to eight digits with no digit or letter on either side, clear of every excluded span. */
  ghost predicate Place(u: Decoder, hay: Text, exclude: seq<Span>, at: Span) {
    && at.start < at.end <= |hay| && 4 <= at.end - at.start <= 8 && Digits(hay[at.start..at.end])
    && (at.start > 0 ==> !Digits([hay[at.start - 1]])) && (at.end < |hay| ==> !Digits([hay[at.end]]))
    && Alone(u, hay, at)
    && (forall k :: 0 <= k < |exclude| ==> exclude[k].end <= at.start || at.end <= exclude[k].start)
  }

  lemma DigitsAre(hay: Text, at: Span)
    requires at.start <= at.end <= |hay|
    ensures Digits(hay[at.start..at.end]) <==> forall k :: at.start <= k < at.end ==> IsDigit(hay[k])
  {
    var code := hay[at.start..at.end];
    if Digits(code) {
      forall k | at.start <= k < at.end ensures IsDigit(hay[k]) { assert code[k - at.start] == hay[k]; }
    }
  }

  lemma OneDigit(b: byte)
    ensures Digits([b]) <==> IsDigit(b)
  {
    assert [b][0] == b;
  }

  lemma EligibleIsPlace(u: Decoder, hay: Text, exclude: seq<Span>, at: Span)
    ensures Eligible(u, hay, exclude, at) <==> Place(u, hay, exclude, at)
  {
    if at.start < at.end <= |hay| {
      DigitsAre(hay, at);
      if at.start > 0 { OneDigit(hay[at.start - 1]); }
      if at.end < |hay| { OneDigit(hay[at.end]); }
    }
  }

  // ----- What makes a place good -----

  /** A word stands within so many bytes of the digits, on either side. */
  predicate Near(at: Span, w: Span, bytes: nat) {
    (w.end <= at.start ==> at.start - w.end <= bytes) && (at.end <= w.start ==> w.start - at.end <= bytes)
  }

  ghost predicate SomeNear(u: Decoder, hay: Text, vocabulary: seq<Text>, at: Span, bytes: nat) {
    exists w: Span :: WordPlace(u, hay, vocabulary, w) && Near(at, w, bytes)
  }

  /** How near the nearest context word is: 3 within 40 bytes, 2 within 80, 1 within 160. */
  ghost function Band(u: Decoder, hay: Text, vocabulary: seq<Text>, at: Span): nat {
    if SomeNear(u, hay, vocabulary, at, 40) then 3
    else if SomeNear(u, hay, vocabulary, at, 80) then 2
    else if SomeNear(u, hay, vocabulary, at, 160) then 1
    else 0
  }

  /** A context word ends at most 24 bytes in front of the digits. */
  ghost predicate LedIn(u: Decoder, hay: Text, vocabulary: seq<Text>, at: Span) {
    exists w: Span :: WordPlace(u, hay, vocabulary, w) && w.end <= at.start <= w.end + 24
  }

  predicate YearLike(code: Text) {
    |code| == 4 && ((code[0] as char == '1' && code[1] as char == '9') || (code[0] as char == '2' && code[1] as char == '0'))
  }

  /** Six digits are the likeliest code, then eight. */
  function Usual(code: Text): nat { if |code| == 6 then 2 else if |code| == 8 then 1 else 0 }

  /** Which of two places the scan prefers: anything to a year, then the nearer word, then a
      word in front, then the likelier length, and then the earlier place. */
  ghost predicate Better(u: Decoder, hay: Text, vocabulary: seq<Text>, a: Span, b: Span)
    requires a.start <= a.end <= |hay| && b.start <= b.end <= |hay|
  {
    var x, y := hay[a.start..a.end], hay[b.start..b.end];
    if YearLike(x) != YearLike(y) then YearLike(y)
    else if Band(u, hay, vocabulary, a) != Band(u, hay, vocabulary, b) then Band(u, hay, vocabulary, a) > Band(u, hay, vocabulary, b)
    else if LedIn(u, hay, vocabulary, a) != LedIn(u, hay, vocabulary, b) then LedIn(u, hay, vocabulary, a)
    else if Usual(x) != Usual(y) then Usual(x) > Usual(y)
    else a.start < b.start
  }

  // ----- The weights give that order -----

  lemma ValueOfFour(code: Text)
    requires |code| == 4
    ensures Value(code) == 1000 * (code[0] as int - 48) + 100 * (code[1] as int - 48) + 10 * (code[2] as int - 48) + (code[3] as int - 48)
  {
    var c3, c2, c1 := code[..3], code[..2], code[..1];
    assert c3[..2] == c2 && c2[..1] == c1 && c1[..0] == [];
    assert Value(c1) == code[0] as int - 48;
    assert Value(c2) == 10 * Value(c1) + (code[1] as int - 48);
    assert Value(c3) == 10 * Value(c2) + (code[2] as int - 48);
  }

  lemma YearIs(code: Text)
    requires Digits(code)
    ensures LooksLikeYear(code) <==> YearLike(code)
  {
    if |code| == 4 {
      ValueOfFour(code);
      forall k | 0 <= k < 4 ensures IsDigit(code[k]) { assert '0' <= code[k] as char <= '9'; }
    }
  }

  lemma NearIs(u: Decoder, hay: Text, vocabulary: seq<Text>, at: Span, bytes: nat)
    requires at.start < at.end
    ensures WordWithin(u, hay, vocabulary, at, bytes) <==> SomeNear(u, hay, vocabulary, at, bytes)
  {
    forall w: Span ensures ContextWordAt(u, hay, vocabulary, w) <==> WordPlace(u, hay, vocabulary, w) { WordsArePlaces(u, hay, vocabulary, w); }
    forall w: Span | WordPlace(u, hay, vocabulary, w) ensures Distance(at, w) <= bytes <==> Near(at, w, bytes) {}
  }

  lemma LedIs(u: Decoder, hay: Text, vocabulary: seq<Text>, at: Span)
    ensures WordLeads(u, hay, vocabulary, at) <==> LedIn(u, hay, vocabulary, at)
  {
    forall w: Span ensures ContextWordAt(u, hay, vocabulary, w) <==> WordPlace(u, hay, vocabulary, w) { WordsArePlaces(u, hay, vocabulary, w); }
    forall w: Span ensures Leads(at, w) <==> w.end <= at.start <= w.end + 24 {}
  }

  /** The four things a place is judged by, as far as they are known. */
  datatype Merit = Merit(year: bool, band: nat, led: bool, usual: nat)

  function Points(m: Merit): int {
    (if m.band == 3 then 100 else if m.band == 2 then 60 else if m.band == 1 then 30 else 0)
    + (if m.led then 15 else 0) + (if m.usual == 2 then 10 else if m.usual == 1 then 4 else 0) - (if m.year then 120 else 0)
  }

  predicate Preferred(a: Merit, b: Merit) {
    if a.year != b.year then b.year
    else if a.band != b.band then a.band > b.band
    else if a.led != b.led then a.led
    else a.usual > b.usual
  }

  predicate Possible(m: Merit) { m.band <= 3 && m.usual <= 2 && (m.year ==> m.usual == 0) }

  /** The weights never let a lesser reason outweigh a greater one. */
  lemma PointsOrder(a: Merit, b: Merit)
    requires Possible(a) && Possible(b)
    ensures Points(a) > Points(b) <==> Preferred(a, b)
  {
  }

  ghost function MeritOf(u: Decoder, hay: Text, vocabulary: seq<Text>, at: Span): Merit
    requires at.start <= at.end <= |hay|
  {
    var code := hay[at.start..at.end];
    Merit(YearLike(code), Band(u, hay, vocabulary, at), LedIn(u, hay, vocabulary, at), Usual(code))
  }

  lemma ScoreIsPoints(u: Decoder, hay: Text, vocabulary: seq<Text>, at: Span)
    requires at.start < at.end <= |hay| && Digits(hay[at.start..at.end])
    ensures TrueScore(u, hay, vocabulary, at) == Points(MeritOf(u, hay, vocabulary, at))
    ensures Possible(MeritOf(u, hay, vocabulary, at))
  {
    YearIs(hay[at.start..at.end]);
    NearIs(u, hay, vocabulary, at, 40);
    NearIs(u, hay, vocabulary, at, 80);
    NearIs(u, hay, vocabulary, at, 160);
    LedIs(u, hay, vocabulary, at);
  }

  lemma BetterIs(u: Decoder, hay: Text, vocabulary: seq<Text>, a: Span, b: Span)
    requires a.start < a.end <= |hay| && Digits(hay[a.start..a.end]) && b.start < b.end <= |hay| && Digits(hay[b.start..b.end])
    ensures var x, y := TrueScore(u, hay, vocabulary, a), TrueScore(u, hay, vocabulary, b);
            Better(u, hay, vocabulary, a, b) <==> x > y || (x == y && a.start < b.start)
  {
    ScoreIsPoints(u, hay, vocabulary, a);
    ScoreIsPoints(u, hay, vocabulary, b);
    PointsOrder(MeritOf(u, hay, vocabulary, a), MeritOf(u, hay, vocabulary, b));
    PointsOrder(MeritOf(u, hay, vocabulary, b), MeritOf(u, hay, vocabulary, a));
  }

  // ----- The ranking -----

  /** Candidate i is the code at its place. */
  predicate StandsAt(hay: Text, c: Candidate) { c.pos + |c.code| <= |hay| && hay[c.pos..c.pos + |c.code|] == c.code }

  ghost predicate AtItsBest(u: Decoder, hay: Text, vocabulary: seq<Text>, c: Candidate, at: Span)
    requires at.start <= at.end <= |hay|
  {
    && StandsAt(hay, c) && c.code == hay[at.start..at.end]
    && (c.At() == at || Better(u, hay, vocabulary, c.At(), at))
  }

  ghost predicate Ahead(u: Decoder, hay: Text, vocabulary: seq<Text>, out: seq<Candidate>, i: nat, j: nat) {
    && i < |out| && j < |out| && out[i].code != out[j].code && StandsAt(hay, out[i]) && StandsAt(hay, out[j])
    && Better(u, hay, vocabulary, out[i].At(), out[j].At())
  }

  ghost predicate Placed(u: Decoder, hay: Text, exclude: seq<Span>, out: seq<Candidate>, i: nat) {
    i < |out| && StandsAt(hay, out[i]) && Place(u, hay, exclude, out[i].At())
  }

  /** Each code once, at the best of its places, the better places first. */
  ghost predicate ByPlace(u: Decoder, hay: Text, vocabulary: seq<Text>, exclude: seq<Span>, out: seq<Candidate>) {
    && (forall i: nat :: i < |out| ==> Placed(u, hay, exclude, out, i))
    && (forall i: nat, j: nat :: i < j < |out| ==> Ahead(u, hay, vocabulary, out, i, j))
    && (forall at :: Place(u, hay, exclude, at) ==> SomeAtBest(u, hay, vocabulary, out, at))
  }

  ghost predicate SomeAtBest(u: Decoder, hay: Text, vocabulary: seq<Text>, out: seq<Candidate>, at: Span) {
    at.start <= at.end <= |hay| && exists i :: 0 <= i < |out| && AtItsBest(u, hay, vocabulary, out[i], at)
  }

  lemma GenuineStands(u: Decoder, hay: Text, vocabulary: seq<Text>, exclude: seq<Span>, c: Candidate)
    requires Genuine(u, hay, vocabulary, exclude, c)
    ensures StandsAt(hay, c) && Place(u, hay, exclude, c.At()) && c.score == TrueScore(u, hay, vocabulary, c.At())
  {
    EligibleIsPlace(u, hay, exclude, c.At());
  }

  lemma RepresentedAtBest(u: Decoder, hay: Text, vocabulary: seq<Text>, exclude: seq<Span>, c: Candidate, at: Span)
    requires Genuine(u, hay, vocabulary, exclude, c) && Place(u, hay, exclude, at)
    requires SameCode(c, CandidateAt(u, hay, vocabulary, at)) && RanksFirst(c, CandidateAt(u, hay, vocabulary, at))
    ensures AtItsBest(u, hay, vocabulary, c, at)
  {
    GenuineStands(u, hay, vocabulary, exclude, c);
    BetterIs(u, hay, vocabulary, c.At(), at);
    assert |c.code| == at.end - at.start;
  }

  lemma BestIsRepresented(u: Decoder, hay: Text, vocabulary: seq<Text>, exclude: seq<Span>, out: seq<Candidate>, at: Span)
    requires AllGenuine(u, hay, vocabulary, exclude, out) && Place(u, hay, exclude, at)
    requires Represented(out, CandidateAt(u, hay, vocabulary, at))
    ensures SomeAtBest(u, hay, vocabulary, out, at)
  {
    var c := CandidateAt(u, hay, vocabulary, at);
    var i :| 0 <= i < |out| && SameCode(out[i], c) && RanksFirst(out[i], c);
    RepresentedAtBest(u, hay, vocabulary, exclude, out[i], at);
  }

  lemma OrderIsAhead(u: Decoder, hay: Text, vocabulary: seq<Text>, exclude: seq<Span>, out: seq<Candidate>, i: nat, j: nat)
    requires IsRanking(u, hay, vocabulary, exclude, out) && i < j < |out|
    ensures Ahead(u, hay, vocabulary, out, i, j)
  {
    GenuineStands(u, hay, vocabulary, exclude, out[i]);
    GenuineStands(u, hay, vocabulary, exclude, out[j]);
    assert !SameCode(out[i], out[j]);
    BetterIs(u, hay, vocabulary, out[i].At(), out[j].At());
  }

  /** Every ranking the scan may report is by place: scores decide nothing the text does not. */
  lemma RankingByPlace(u: Decoder, hay: Text, vocabulary: seq<Text>, exclude: seq<Span>, out: seq<Candidate>)
    requires IsRanking(u, hay, vocabulary, exclude, out)
    ensures ByPlace(u, hay, vocabulary, exclude, out)
  {
    forall i: nat | i < |out| ensures Placed(u, hay, exclude, out, i) { GenuineStands(u, hay, vocabulary, exclude, out[i]); }
    forall i: nat, j: nat | i < j < |out| ensures Ahead(u, hay, vocabulary, out, i, j) {
      OrderIsAhead(u, hay, vocabulary, exclude, out, i, j);
    }
    forall at | Place(u, hay, exclude, at) ensures SomeAtBest(u, hay, vocabulary, out, at) {
      EligibleIsPlace(u, hay, exclude, at);
      BestIsRepresented(u, hay, vocabulary, exclude, out, at);
    }
  }

  /** A place of the code. */
  ghost predicate PlaceOf(u: Decoder, hay: Text, exclude: seq<Span>, code: Text, at: Span) {
    Place(u, hay, exclude, at) && hay[at.start..at.end] == code
  }

  lemma BandNotWorse(u: Decoder, hay: Text, vocabulary: seq<Text>, a: Span, b: Span)
    requires a.start <= a.end <= |hay| && b.start <= b.end <= |hay| && Better(u, hay, vocabulary, a, b)
    requires YearLike(hay[a.start..a.end]) <==> YearLike(hay[b.start..b.end])
    ensures Band(u, hay, vocabulary, a) >= Band(u, hay, vocabulary, b)
  {
  }

  lemma BandAtBest(u: Decoder, hay: Text, vocabulary: seq<Text>, exclude: seq<Span>, out: seq<Candidate>, i: nat, at: Span)
    requires ByPlace(u, hay, vocabulary, exclude, out) && i < |out| && PlaceOf(u, hay, exclude, out[i].code, at)
    ensures StandsAt(hay, out[i]) && Band(u, hay, vocabulary, out[i].At()) >= Band(u, hay, vocabulary, at)
  {
    assert SomeAtBest(u, hay, vocabulary, out, at);
    var k: nat :| k < |out| && AtItsBest(u, hay, vocabulary, out[k], at);
    assert k < i ==> Ahead(u, hay, vocabulary, out, k, i);
    assert i < k ==> Ahead(u, hay, vocabulary, out, i, k);
    if out[k].At() != at { BandNotWorse(u, hay, vocabulary, out[k].At(), at); }
  }

  lemma BandsFall(u: Decoder, hay: Text, vocabulary: seq<Text>, exclude: seq<Span>, out: seq<Candidate>, i: nat, j: nat)
    requires ByPlace(u, hay, vocabulary, exclude, out) && i < j < |out| && (YearLike(out[i].code) <==> YearLike(out[j].code))
    ensures StandsAt(hay, out[i]) && StandsAt(hay, out[j]) && Band(u, hay, vocabulary, out[i].At()) >= Band(u, hay, vocabulary, out[j].At())
  {
    assert Ahead(u, hay, vocabulary, out, i, j);
    BandNotWorse(u, hay, vocabulary, out[i].At(), out[j].At());
  }

  lemma PlacedAtCode(u: Decoder, hay: Text, vocabulary: seq<Text>, exclude: seq<Span>, out: seq<Candidate>, j: nat)
    requires ByPlace(u, hay, vocabulary, exclude, out) && j < |out|
    ensures StandsAt(hay, out[j]) && PlaceOf(u, hay, exclude, out[j].code, out[j].At())
  {
    assert Placed(u, hay, exclude, out, j);
  }

  lemma NearerIsAhead(u: Decoder, hay: Text, vocabulary: seq<Text>, exclude: seq<Span>, out: seq<Candidate>, i: nat, j: nat)
    requires ByPlace(u, hay, vocabulary, exclude, out) && i < |out| && j < |out| && (YearLike(out[i].code) <==> YearLike(out[j].code))
    requires StandsAt(hay, out[i]) && StandsAt(hay, out[j])
    requires Band(u, hay, vocabulary, out[i].At()) > Band(u, hay, vocabulary, out[j].At())
    ensures i < j
  {
    if j < i { BandsFall(u, hay, vocabulary, exclude, out, j, i); }
  }

  /** Whatever their lengths, of two codes that are both years or both not, the one that stands
      somewhere in a nearer band than the other does anywhere comes first. */
  lemma NearerComesFirst(u: Decoder, hay: Text, vocabulary: seq<Text>, exclude: seq<Span>, out: seq<Candidate>, i: nat, j: nat, at: Span)
    requires IsRanking(u, hay, vocabulary, exclude, out) && i < |out| && j < |out| && PlaceOf(u, hay, exclude, out[i].code, at)
    requires YearLike(out[i].code) <==> YearLike(out[j].code)
    requires forall b :: PlaceOf(u, hay, exclude, out[j].code, b) ==> Band(u, hay, vocabulary, at) > Band(u, hay, vocabulary, b)
    ensures i < j
  {
    RankingByPlace(u, hay, vocabulary, exclude, out);
    BandAtBest(u, hay, vocabulary, exclude, out, i, at);
    PlacedAtCode(u, hay, vocabulary, exclude, out, j);
    NearerIsAhead(u, hay, vocabulary, exclude, out, i, j);
  }

  lemma YearIsBehind(u: Decoder, hay: Text, vocabulary: seq<Text>, exclude: seq<Span>, out: seq<Candidate>, i: nat, j: nat)
    requires ByPlace(u, hay, vocabulary, exclude, out) && i < |out| && j < |out|
    requires !YearLike(out[i].code) && YearLike(out[j].code)
    ensures i < j
  {
    assert j < i ==> Ahead(u, hay, vocabulary, out, j, i);
  }

  /** A year comes after every code that is none. */
  lemma YearsComeLast(u: Decoder, hay: Text, vocabulary: seq<Text>, exclude: seq<Span>, out: seq<Candidate>, i: nat, j: nat)
    requires IsRanking(u, hay, vocabulary, exclude, out) && i < |out| && j < |out|
    requires !YearLike(out[i].code) && YearLike(out[j].code)
    ensures i < j
  {
    RankingByPlace(u, hay, vocabulary, exclude, out);
    YearIsBehind(u, hay, vocabulary, exclude, out, i, j);
  }

  // ----- One ranking -----

  predicate Before(a: Candidate, b: Candidate) { a.score > b.score || (a.score == b.score && a.pos < b.pos) }

  ghost predicate Descending(out: seq<Candidate>) { forall i, j :: 0 <= i < j < |out| ==> Before(out[i], out[j]) }

  lemma {:induction false} DescendingIsUnique(a: seq<Candidate>, b: seq<Candidate>)
    requires Descending(a) && Descending(b) && forall c :: c in a <==> c in b
    ensures a == b
    decreases |a|
  {
    EmptyTogether(a, b);
    if a != [] {
      assert a[0] in b && b[0] in a;
      SameHead(a, b);
      forall c ensures c in a[1..] <==> c in b[1..] {
        InTail(a, c);
        InTail(b, c);
      }
      DescendingIsUnique(a[1..], b[1..]);
      assert a == [a[0]] + a[1..] && b == [b[0]] + b[1..];
    }
  }

  lemma EmptyTogether(a: seq<Candidate>, b: seq<Candidate>)
    requires forall c :: c in a <==> c in b
    ensures a == [] <==> b == []
  {
    if a != [] { assert a[0] in b; }
    if b != [] { assert b[0] in a; }
  }

  lemma SameHead(a: seq<Candidate>, b: seq<Candidate>)
    requires Descending(a) && Descending(b) && a != [] && b != [] && a[0] in b && b[0] in a
    ensures a[0] == b[0]
  {
    var j :| 0 <= j < |b| && b[j] == a[0];
    var k :| 0 <= k < |a| && a[k] == b[0];
    assert j > 0 ==> Before(b[0], b[j]);
    assert k > 0 ==> Before(a[0], a[k]);
  }

  lemma InTail(a: seq<Candidate>, c: Candidate)
    requires Descending(a) && a != []
    ensures c in a[1..] <==> c in a && c != a[0]
  {
    if c in a[1..] {
      var k :| 0 <= k < |a| - 1 && a[1..][k] == c;
      assert a[k + 1] == c && Before(a[0], a[k + 1]);
    }
  }

  /** Every one of them has a candidate of its code that ranks no worse. */
  ghost predicate RepresentsAll(out: seq<Candidate>, others: seq<Candidate>) {
    forall k: nat :: k < |others| ==> RepresentsOne(out, others, k)
  }

  ghost predicate RepresentsOne(out: seq<Candidate>, others: seq<Candidate>, k: nat) { k < |others| && Represented(out, others[k]) }

  lemma NoneBetter(a: seq<Candidate>, i: nat, d: Candidate)
    requires DistinctCodes(a) && i < |a| && SameCode(d, a[i]) && RanksFirst(d, a[i]) && Represented(a, d)
    ensures a[i] == d
  {
    var k :| 0 <= k < |a| && SameCode(a[k], d) && RanksFirst(a[k], d);
    assert k == i by { assert SameCode(a[k], a[i]); }
  }

  lemma InOther(a: seq<Candidate>, b: seq<Candidate>, i: nat)
    requires DistinctCodes(a) && RepresentsAll(a, b) && RepresentsAll(b, a) && i < |a|
    ensures a[i] in b
  {
    assert RepresentsOne(b, a, i);
    var j: nat :| j < |b| && SameCode(b[j], a[i]) && RanksFirst(b[j], a[i]);
    assert RepresentsOne(a, b, j);
    NoneBetter(a, i, b[j]);
  }

  lemma GenuineIsAt(u: Decoder, hay: Text, vocabulary: seq<Text>, exclude: seq<Span>, c: Candidate)
    requires Genuine(u, hay, vocabulary, exclude, c)
    ensures CandidateAt(u, hay, vocabulary, c.At()) == c && Eligible(u, hay, exclude, c.At())
  {
  }

  lemma RankingRepresents(u: Decoder, hay: Text, vocabulary: seq<Text>, exclude: seq<Span>, out: seq<Candidate>, others: seq<Candidate>)
    requires forall at :: Eligible(u, hay, exclude, at) ==> Represented(out, CandidateAt(u, hay, vocabulary, at))
    requires AllGenuine(u, hay, vocabulary, exclude, others)
    ensures RepresentsAll(out, others)
  {
    forall k: nat | k < |others| ensures RepresentsOne(out, others, k) { GenuineIsAt(u, hay, vocabulary, exclude, others[k]); }
  }

  /** The order is total: a text has one ranking. */
  lemma RankingIsUnique(u: Decoder, hay: Text, vocabulary: seq<Text>, exclude: seq<Span>, a: seq<Candidate>, b: seq<Candidate>)
    requires IsRanking(u, hay, vocabulary, exclude, a) && IsRanking(u, hay, vocabulary, exclude, b)
    ensures a == b
  {
    RankingRepresents(u, hay, vocabulary, exclude, a, b);
    RankingRepresents(u, hay, vocabulary, exclude, b, a);
    SameRanking(a, b);
  }

  lemma SameRanking(a: seq<Candidate>, b: seq<Candidate>)
    requires DistinctCodes(a) && DistinctCodes(b) && RepresentsAll(a, b) && RepresentsAll(b, a) && Descending(a) && Descending(b)
    ensures a == b
  {
    forall i: nat | i < |a| ensures a[i] in b { InOther(a, b, i); }
    forall i: nat | i < |b| ensures b[i] in a { InOther(b, a, i); }
    assert forall c :: c in a <==> c in b;
    DescendingIsUnique(a, b);
  }

  // ----- The best code -----

  /** A code may be chosen: of six or eight digits, or no year and with a context word within
      160 bytes. */
  ghost predicate Choosable(u: Decoder, hay: Text, vocabulary: seq<Text>, at: Span)
    requires at.start <= at.end <= |hay|
  {
    at.end - at.start in {6, 8} || (!YearLike(hay[at.start..at.end]) && SomeNear(u, hay, vocabulary, at, 160))
  }

  lemma ChoosableIs(u: Decoder, hay: Text, vocabulary: seq<Text>, at: Span)
    requires at.start < at.end <= |hay| && Digits(hay[at.start..at.end])
    ensures Choosable(u, hay, vocabulary, at) <==> !Worthless(u, hay, vocabulary, at)
  {
    YearIs(hay[at.start..at.end]);
    NearIs(u, hay, vocabulary, at, 160);
  }

  /** The chosen code is the first of the ranking, if that may be chosen; if not, none may. */
  lemma BestIsFirst(u: Decoder, hay: Text, vocabulary: seq<Text>, exclude: seq<Span>, out: seq<Candidate>)
    requires IsRanking(u, hay, vocabulary, exclude, out)
    ensures BestOf(out) == if out != [] && StandsAt(hay, out[0]) && Choosable(u, hay, vocabulary, out[0].At()) then out[0].code else []
    ensures BestOf(out) == [] <==> forall at :: Place(u, hay, exclude, at) ==> !Choosable(u, hay, vocabulary, at)
  {
    forall i | 0 <= i < |out|
      ensures StandsAt(hay, out[i]) && out[i].code != [] && (out[i].score > 0 <==> Choosable(u, hay, vocabulary, out[i].At()))
    {
      GenuineStands(u, hay, vocabulary, exclude, out[i]);
      GenuineWorth(u, hay, vocabulary, exclude, out[i]);
      ChoosableIs(u, hay, vocabulary, out[i].At());
    }
    forall c | c in out ensures c.code != [] { var i :| 0 <= i < |out| && out[i] == c; }
    BestIsFirstPositive(out);
    NoBestMeaning(u, hay, vocabulary, exclude, out);
    forall at ensures Eligible(u, hay, exclude, at) <==> Place(u, hay, exclude, at) { EligibleIsPlace(u, hay, exclude, at); }
    forall at | Place(u, hay, exclude, at) ensures Choosable(u, hay, vocabulary, at) <==> !Worthless(u, hay, vocabulary, at) {
      ChoosableIs(u, hay, vocabulary, at);
    }
  }
}
