/** Half-open byte ranges: the in-place merge and the binary-search overlap test
    of internal/extract/extract.go. */
module Spans {
  import opened Base

  datatype Span = Span(start: nat, end: nat)

  predicate Overlap(a: Span, b: Span) { a.start < b.end && b.start < a.end }

  ghost predicate Covered(spans: seq<Span>, p: nat) {
    exists i :: 0 <= i < |spans| && spans[i].start <= p < spans[i].end
  }

  ghost predicate OverlapsSome(spans: seq<Span>, q: Span) {
    exists i :: 0 <= i < |spans| && Overlap(spans[i], q)
  }

  ghost predicate NonEmpty(spans: seq<Span>) {
    forall i :: 0 <= i < |spans| ==> spans[i].start < spans[i].end
  }

  /** Ascending with a gap between neighbours: what the merge promises. */
  ghost predicate Separated(spans: seq<Span>) {
    forall i, j :: 0 <= i < j < |spans| ==> spans[i].end < spans[j].start
  }

  /** Ascending and pairwise disjoint, possibly touching: what inSpans needs. */
  ghost predicate Ascending(spans: seq<Span>) {
    forall i, j :: 0 <= i < j < |spans| ==> spans[i].end <= spans[j].start
  }

  predicate SpanLe(a: Span, b: Span) { if a.start != b.start then a.start < b.start else a.end <= b.end }

  lemma SpanLeIsPreorder()
    ensures TotalPreorder(SpanLe)
  {
  }

  /** The merge on values: `done` is the output so far, `rest` what is still to be read. */
  function Coalesce(done: seq<Span>, rest: seq<Span>): seq<Span>
    requires done != []
    decreases |rest|
  {
    if rest == [] then done
    else
      var last := done[|done| - 1];
      var s := rest[0];
      if s.start <= last.end then
        Coalesce(done[|done| - 1 := Span(last.start, Max(last.end, s.end))], rest[1..])
      else
        Coalesce(done + [s], rest[1..])
  }

  function Merged(spans: seq<Span>): seq<Span> {
    var sorted := Sort(spans, SpanLe);
    if |sorted| < 2 then sorted else Coalesce(sorted[..1], sorted[1..])
  }

  lemma CoveredSplit(a: seq<Span>, b: seq<Span>, p: nat)
    ensures Covered(a + b, p) <==> Covered(a, p) || Covered(b, p)
  {
    if Covered(a, p) {
      var i :| 0 <= i < |a| && a[i].start <= p < a[i].end;
      assert (a + b)[i] == a[i];
    }
    if Covered(b, p) {
      var i :| 0 <= i < |b| && b[i].start <= p < b[i].end;
      assert (a + b)[|a| + i] == b[i];
    }
  }

  /** One merge step covers what its two inputs covered. */
  lemma CoalesceStep(done: seq<Span>, s: Span, p: nat)
    requires done != [] && done[|done| - 1].start <= s.start <= done[|done| - 1].end
    ensures var last := done[|done| - 1];
            Covered(done[|done| - 1 := Span(last.start, Max(last.end, s.end))], p)
            <==> Covered(done, p) || s.start <= p < s.end
  {
    var last := done[|done| - 1];
    var front := done[..|done| - 1];
    var wide := Span(last.start, Max(last.end, s.end));
    assert done == front + [last];
    assert done[|done| - 1 := wide] == front + [wide];
    CoveredSplit(front, [last], p);
    CoveredSplit(front, [wide], p);
    assert Covered([last], p) <==> [last][0].start <= p < [last][0].end;
    assert Covered([wide], p) <==> [wide][0].start <= p < [wide][0].end;
  }

  lemma {:induction false} CoalesceMeaning(done: seq<Span>, rest: seq<Span>)
    requires done != [] && Separated(done)
    requires SortedBy(rest, SpanLe)
    requires forall i :: 0 <= i < |rest| ==> done[|done| - 1].start <= rest[i].start
    ensures Separated(Coalesce(done, rest))
    ensures forall p: nat :: Covered(Coalesce(done, rest), p) <==> Covered(done, p) || Covered(rest, p)
    ensures NonEmpty(done) && NonEmpty(rest) ==> NonEmpty(Coalesce(done, rest))
    decreases |rest|
  {
    if rest != [] {
      var last := done[|done| - 1];
      var s := rest[0];
      var next := if s.start <= last.end
        then done[|done| - 1 := Span(last.start, Max(last.end, s.end))] else done + [s];
      CoalesceMeaning(next, rest[1..]);
      forall p: nat ensures Covered(next, p) || Covered(rest[1..], p) <==> Covered(done, p) || Covered(rest, p) {
        assert rest == [s] + rest[1..];
        CoveredSplit([s], rest[1..], p);
        assert Covered([s], p) <==> [s][0].start <= p < [s][0].end;
        if s.start <= last.end { CoalesceStep(done, s, p); } else { CoveredSplit(done, [s], p); }
      }
    }
  }

  lemma SortKeepsCoverage(spans: seq<Span>)
    ensures SortedBy(Sort(spans, SpanLe), SpanLe)
    ensures forall p: nat :: Covered(Sort(spans, SpanLe), p) <==> Covered(spans, p)
    ensures NonEmpty(spans) ==> NonEmpty(Sort(spans, SpanLe))
  {
    SpanLeIsPreorder();
    SortSorts(spans, SpanLe);
    var sorted := Sort(spans, SpanLe);
    forall p: nat ensures Covered(sorted, p) <==> Covered(spans, p) {
      if Covered(sorted, p) {
        var i :| 0 <= i < |sorted| && sorted[i].start <= p < sorted[i].end;
        assert sorted[i] in spans;
      }
      if Covered(spans, p) {
        var i :| 0 <= i < |spans| && spans[i].start <= p < spans[i].end;
        assert spans[i] in sorted;
      }
    }
    if NonEmpty(spans) {
      forall i | 0 <= i < |sorted| ensures sorted[i].start < sorted[i].end { assert sorted[i] in spans; }
    }
  }

  /** Merging yields a separated ascending list over exactly the same positions. */
  lemma MergedMeaning(spans: seq<Span>)
    ensures Separated(Merged(spans))
    ensures forall p: nat :: Covered(Merged(spans), p) <==> Covered(spans, p)
    ensures NonEmpty(spans) ==> NonEmpty(Merged(spans))
  {
    SortKeepsCoverage(spans);
    var sorted := Sort(spans, SpanLe);
    if |sorted| >= 2 {
      CoalesceMeaning(sorted[..1], sorted[1..]);
      assert sorted == sorted[..1] + sorted[1..];
      forall p: nat ensures Covered(sorted, p) <==> Covered(sorted[..1], p) || Covered(sorted[1..], p) {
        CoveredSplit(sorted[..1], sorted[1..], p);
      }
    }
  }

  /** The library sort, in place. */
  method SortInPlace(a: array<Span>)
    modifies a
    ensures a[..] == Sort(old(a[..]), SpanLe)
  {
    var sorted := Sort(a[..], SpanLe);
    SpanLeIsPreorder();
    SortSorts(a[..], SpanLe);
    forall k | 0 <= k < a.Length { a[k] := sorted[k]; }
    assert a[..] == sorted;
  }

  /** The write index n never passes the read index i, so the merge needs no second array. */
  method CoalesceInPlace(a: array<Span>) returns (n: nat)
    requires a.Length > 0
    modifies a
    ensures n <= a.Length
    ensures a[..n] == Coalesce(old(a[..1]), old(a[1..]))
  {
    n := 1;
    var i := 1;
    while i < a.Length
      invariant 1 <= n <= i <= a.Length
      invariant Coalesce(a[..n], a[i..]) == Coalesce(old(a[..1]), old(a[1..]))
    {
      ghost var done, rest := a[..n], a[i..];
      var s := a[i];
      assert s == rest[0] && done[n - 1] == a[n - 1];
      assert rest[1..] == a[i + 1..];
      if s.start <= a[n - 1].end {
        if s.end > a[n - 1].end {
          a[n - 1] := Span(a[n - 1].start, s.end);
        }
        assert a[..n] == done[n - 1 := Span(done[n - 1].start, Max(done[n - 1].end, s.end))];
      } else {
        a[n] := s;
        n := n + 1;
        assert a[..n] == done + [s];
      }
      i := i + 1;
      assert a[i..] == rest[1..];
    }
    assert a[i..] == [];
  }

  /** Sorts and coalesces the array in place; the answer is its first n elements. */
  method MergeSpans(a: array<Span>) returns (n: nat)
    modifies a
    ensures n <= a.Length
    ensures a[..n] == Merged(old(a[..]))
  {
    if a.Length < 2 {
      assert |a[..]| == 1 ==> Sort(a[..][1..], SpanLe) == [];
      return a.Length;
    }
    SortInPlace(a);
    n := CoalesceInPlace(a);
  }

  /** Reports whether s overlaps any span of a disjoint ascending list. */
  predicate InSpans(sorted: seq<Span>, s: Span) {
    var i := Search(|sorted|, (k: nat) => k < |sorted| && sorted[k].end > s.start);
    i < |sorted| && sorted[i].start < s.end
  }

  lemma InSpansMeaning(sorted: seq<Span>, s: Span)
    requires Ascending(sorted) && NonEmpty(sorted) && s.start < s.end
    ensures InSpans(sorted, s) <==> OverlapsSome(sorted, s)
  {
    var f := (k: nat) => k < |sorted| && sorted[k].end > s.start;
    var i := Search(|sorted|, f);
    forall j: nat, k: nat | j <= k < |sorted| && f(j) ensures f(k) {
      if j < k { assert sorted[j].end <= sorted[k].start < sorted[k].end; }
    }
    assert Monotone(|sorted|, f);
    if i < |sorted| && sorted[i].start < s.end { assert Overlap(sorted[i], s); }
    if OverlapsSome(sorted, s) {
      var k :| 0 <= k < |sorted| && Overlap(sorted[k], s);
      assert f(k) && i <= k;
      if i < k { assert sorted[i].end <= sorted[k].start < s.end; }
    }
  }

  /** The fast test on the merged list answers for the original, unsorted list. */
  lemma MergedOverlap(spans: seq<Span>, q: Span)
    requires NonEmpty(spans) && q.start < q.end
    ensures InSpans(Merged(spans), q) <==> OverlapsSome(spans, q)
  {
    MergedMeaning(spans);
    InSpansMeaning(Merged(spans), q);
    OverlapIsCoverage(Merged(spans), q);
    OverlapIsCoverage(spans, q);
  }

  lemma OverlapIsCoverage(spans: seq<Span>, q: Span)
    requires NonEmpty(spans) && q.start < q.end
    ensures OverlapsSome(spans, q) <==> exists p: nat :: q.start <= p < q.end && Covered(spans, p)
  {
    if OverlapsSome(spans, q) {
      var i :| 0 <= i < |spans| && Overlap(spans[i], q);
      var p: nat := Max(spans[i].start, q.start);
      assert q.start <= p < q.end && Covered(spans, p);
    }
    if p: nat :| q.start <= p < q.end && Covered(spans, p) {
      var i :| 0 <= i < |spans| && spans[i].start <= p < spans[i].end;
      assert Overlap(spans[i], q);
    }
  }
}
