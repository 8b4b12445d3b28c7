/** The engine over one message (internal/extract/extract.go): the codes come from the folded
    text without its URLs, the links from the markup and the text as written. */
module Extract {
  import opened Base
  import opened Runes
  import opened Spans
  import Otp
  import Ranking
  import Links
  import opened LinkLists

  datatype Findings = Findings(otpBest: Text, otpCandidates: seq<Text>, links: seq<Link>, verifyLinkBest: Text)

  /** A standalone run of four to eight digits that no plain URL of the text overlaps. */
  ghost predicate FreeRun(u: Decoder, folded: Text, at: Span) {
    && Otp.Standalone(u, folded, at)
    && Otp.MIN_OTP_LEN <= at.end - at.start <= Otp.MAX_OTP_LEN
    && forall p :: Links.IsPlainURL(u, folded, p) ==> !Overlap(p.at, at)
  }

  ghost predicate NothingWorthChoosing(u: Decoder, folded: Text, vocabulary: seq<Text>) {
    forall at :: FreeRun(u, folded, at) ==> Otp.Worthless(u, folded, vocabulary, at)
  }

  lemma EligibleIsFree(u: Decoder, folded: Text, spans: seq<Span>, at: Span)
    requires forall s :: s in spans <==> Links.IsURLSpan(u, folded, s)
    ensures Otp.Eligible(u, folded, spans, at) <==> FreeRun(u, folded, at)
  {
    if OverlapsSome(spans, at) {
      var i :| 0 <= i < |spans| && Overlap(spans[i], at);
      assert spans[i] in spans && Links.IsURLSpan(u, folded, spans[i]);
    }
    if p :| Links.IsPlainURL(u, folded, p) && Overlap(p.at, at) {
      assert Links.IsURLSpan(u, folded, p.at) && p.at in spans;
    }
  }

  ghost predicate Ranks(u: Decoder, folded: Text, vocabulary: seq<Text>, candidates: seq<Otp.Candidate>) {
    exists spans: seq<Span> ::
      (forall s :: s in spans <==> Links.IsURLSpan(u, folded, s)) && Otp.IsRanking(u, folded, vocabulary, spans, candidates)
  }

  /** The ranked codes and the best of them. No code is best exactly when every free run is
      worthless: neither six nor eight digits, and a year or without a context word near. */
  method Codes(u: Decoder, folded: Text, vocabulary: seq<Text>) returns (candidates: seq<Otp.Candidate>, best: Text)
    requires u.Valid() && forall w :: w in vocabulary ==> w != []
    ensures Ranks(u, folded, vocabulary, candidates) && best == Otp.BestOf(candidates)
    ensures best == [] <==> NothingWorthChoosing(u, folded, vocabulary)
  {
    var spans := Links.UrlSpans(u, folded);
    candidates := Otp.OtpCandidates(u, folded, vocabulary, spans);
    Otp.NoBestMeaning(u, folded, vocabulary, spans, candidates);
    forall at ensures Otp.Eligible(u, folded, spans, at) <==> FreeRun(u, folded, at) { EligibleIsFree(u, folded, spans, at); }
    RankedCodesAreCodes(u, folded, vocabulary, spans, candidates);
    best := Otp.OtpBest(candidates);
  }

  lemma RankedCodesAreCodes(u: Decoder, folded: Text, vocabulary: seq<Text>, spans: seq<Span>, candidates: seq<Otp.Candidate>)
    requires Otp.IsRanking(u, folded, vocabulary, spans, candidates)
    ensures forall c :: c in candidates ==> c.code != []
  {
    forall c | c in candidates ensures c.code != [] {
      var i :| 0 <= i < |candidates| && candidates[i] == c;
      Otp.GenuineWorth(u, folded, vocabulary, spans, c);
    }
  }

  lemma EnglishWords()
    ensures forall w :: w in Otp.ENGLISH_WORDS ==> w != []
  {
  }

  lemma VietnameseWords()
    ensures forall w :: w in Otp.VIETNAMESE_WORDS ==> w != []
  {
  }

  ghost predicate Finds(u: Decoder, judge: Judge, hrefs: seq<RawLink>, plain: Text, links: seq<Link>, best: Text) {
    && (exists urls, spelled :: CollectionOf(judge, u, hrefs, plain, urls, spelled, links))
    && (if !NoneOpenable(links, Verify) then FirstOpenable(links, Verify, best)
        else if !NoneOpenable(links, Magic) then FirstOpenable(links, Magic, best)
        else best == [])
  }

  /** The codes of the text outside its URLs, the better placed first, and the first of them if
      it may be chosen. */
  ghost predicate CodesAre(u: Decoder, folded: Text, vocabulary: seq<Text>, spans: seq<Span>, candidates: seq<Otp.Candidate>,
                           codes: seq<Text>, best: Text) {
    && (forall s :: s in spans <==> Links.IsURLSpan(u, folded, s))
    && Ranking.ByPlace(u, folded, vocabulary, spans, candidates) && codes == CodesOf(candidates)
    && best == if candidates != [] && Ranking.StandsAt(folded, candidates[0])
                  && Ranking.Choosable(u, folded, vocabulary, candidates[0].At()) then codes[0] else []
  }

  ghost predicate HasCodes(u: Decoder, folded: Text, vocabulary: seq<Text>, codes: seq<Text>, best: Text) {
    && (exists spans, candidates :: CodesAre(u, folded, vocabulary, spans, candidates, codes, best))
    && (best == [] <==> NothingWorthChoosing(u, folded, vocabulary))
  }

  lemma RankedCodes(u: Decoder, folded: Text, vocabulary: seq<Text>, spans: seq<Span>, candidates: seq<Otp.Candidate>)
    requires (forall s :: s in spans <==> Links.IsURLSpan(u, folded, s)) && Otp.IsRanking(u, folded, vocabulary, spans, candidates)
    ensures CodesAre(u, folded, vocabulary, spans, candidates, CodesOf(candidates), Otp.BestOf(candidates))
  {
    Ranking.RankingByPlace(u, folded, vocabulary, spans, candidates);
    Ranking.BestIsFirst(u, folded, vocabulary, spans, candidates);
  }

  method FindCodes(u: Decoder, folded: Text, vocabulary: seq<Text>) returns (codes: seq<Text>, best: Text)
    requires u.Valid() && forall w :: w in vocabulary ==> w != []
    ensures HasCodes(u, folded, vocabulary, codes, best)
  {
    var candidates;
    candidates, best := Codes(u, folded, vocabulary);
    codes := CodesOf(candidates);
    ghost var spans: seq<Span> :|
      (forall s :: s in spans <==> Links.IsURLSpan(u, folded, s)) && Otp.IsRanking(u, folded, vocabulary, spans, candidates);
    RankedCodes(u, folded, vocabulary, spans, candidates);
  }

  method FindLinks(u: Decoder, judge: Judge, hrefs: seq<RawLink>, plain: Text) returns (links: seq<Link>, best: Text)
    requires u.Valid()
    ensures Finds(u, judge, hrefs, plain, links, best)
  {
    links := CollectLinks(judge, u, hrefs, plain);
    LinksHaveUrls(u, judge, hrefs, plain, links);
    best := VerifyLinkBest(links);
  }

  lemma ContextWordsAreWords()
    ensures forall w :: w in Otp.OTP_CONTEXT_WORDS ==> w != []
  {
    EnglishWords();
    VietnameseWords();
  }

  /** Everything one message yields. `folded` is the folded form of `plain`. */
  method Extract(u: Decoder, judge: Judge, hrefs: seq<RawLink>, plain: Text, folded: Text) returns (r: Findings)
    requires u.Valid()
    ensures HasCodes(u, folded, Otp.OTP_CONTEXT_WORDS, r.otpCandidates, r.otpBest)
    ensures Finds(u, judge, hrefs, plain, r.links, r.verifyLinkBest)
  {
    ContextWordsAreWords();
    var links, verifyLinkBest := FindLinks(u, judge, hrefs, plain);
    var codes, otpBest := FindCodes(u, folded, Otp.OTP_CONTEXT_WORDS);
    r := Findings(otpBest, codes, links, verifyLinkBest);
  }

  function CodesOf(candidates: seq<Otp.Candidate>): seq<Text> {
    seq(|candidates|, i requires 0 <= i < |candidates| => candidates[i].code)
  }

  lemma LinksHaveUrls(u: Decoder, judge: Judge, hrefs: seq<RawLink>, plain: Text, links: seq<Link>)
    requires exists urls, spelled :: CollectionOf(judge, u, hrefs, plain, urls, spelled, links)
    ensures forall i :: 0 <= i < |links| ==> links[i].url != []
  {
    var urls, spelled :| CollectionOf(judge, u, hrefs, plain, urls, spelled, links);
    CollectedMeaning(judge, hrefs + spelled);
  }
}
