/** SSE event ids, `generation-seq` (internal/sse/id.go): printing, strict parsing, and
    exactly when the two are inverse. */
module EventIds {
  import opened Base

  const MAX_INT64: int := 0x7fff_ffff_ffff_ffff

  datatype EventID = EventID(generation: int, seqNo: int) {
    /** "No id at all": generations count from 1. */
    predicate IsZero() { generation == 0 && seqNo == 0 }
  }

  datatype ParseError = NoSeparator | Empty | NotDecimal | OutOfRange

  predicate IsDecimalDigit(c: char) { '0' <= c <= '9' }

  function Digit(d: nat): char
    requires d < 10
  {
    '0' + d as char
  }

  /** strconv.FormatInt in base ten. */
  function Decimal(n: nat): (s: string)
    ensures s != [] && forall i :: 0 <= i < |s| ==> IsDecimalDigit(s[i])
  {
    if n < 10 then [Digit(n)] else Decimal(n / 10) + [Digit(n % 10)]
  }

  function FormatInt(n: int): string { if n < 0 then "-" + Decimal(-n) else Decimal(n) }

  function Print(id: EventID): string { FormatInt(id.generation) + "-" + FormatInt(id.seqNo) }

  function DecimalValue(s: string): int {
    if s == [] then 0 else 10 * DecimalValue(s[..|s| - 1]) + (s[|s| - 1] as int - '0' as int)
  }

  /** Decimal digits and nothing else, within int64. */
  function ParsePart(s: string): Result<int, ParseError> {
    if s == [] then Err(Empty)
    else if exists i :: 0 <= i < |s| && !IsDecimalDigit(s[i]) then Err(NotDecimal)
    else if DecimalValue(s) > MAX_INT64 then Err(OutOfRange)
    else Ok(DecimalValue(s))
  }

  /** The position of the first '-', or |s|. */
  function CutAt(s: string): (i: nat)
    ensures i <= |s| && (i < |s| ==> s[i] == '-') && forall k :: 0 <= k < i ==> s[k] != '-'
  {
    if s == [] || s[0] == '-' then 0 else 1 + CutAt(s[1..])
  }

  function Parse(s: string): Result<EventID, ParseError> {
    var i := CutAt(s);
    if i == |s| then Err(NoSeparator)
    else
      var generation := ParsePart(s[..i]);
      if generation.Err? then Err(generation.error)
      else
        var seqNo := ParsePart(s[i + 1..]);
        if seqNo.Err? then Err(seqNo.error) else Ok(EventID(generation.value, seqNo.value))
  }

  lemma {:induction false} DecimalRoundTrip(n: nat)
    ensures DecimalValue(Decimal(n)) == n
  {
    if n >= 10 {
      DecimalRoundTrip(n / 10);
      assert Decimal(n)[..|Decimal(n)| - 1] == Decimal(n / 10);
    }
  }

  lemma PrintExample()
    ensures Print(EventID(3, 7)) == "3-7"
  {
  }

  lemma CutOfJoin(front: string, back: string)
    requires forall k :: 0 <= k < |front| ==> front[k] != '-'
    ensures CutAt(front + "-" + back) == |front|
  {
    var s := front + "-" + back;
    assert s[|front|] == '-';
    assert forall k :: 0 <= k < |front| ==> s[k] == front[k];
  }

  /** Parsing inverts printing for exactly the ids with no negative part. */
  lemma ParseInvertsPrint(id: EventID)
    requires -MAX_INT64 - 1 <= id.generation <= MAX_INT64 && -MAX_INT64 - 1 <= id.seqNo <= MAX_INT64
    ensures Parse(Print(id)) == Ok(id) <==> id.generation >= 0 && id.seqNo >= 0
  {
    var front, back := FormatInt(id.generation), FormatInt(id.seqNo);
    if id.generation < 0 {
      assert Print(id)[0] == '-' && Print(id)[..0] == [];
    } else {
      CutOfJoin(front, back);
      assert Print(id)[..|front|] == front && Print(id)[|front| + 1..] == back;
      DecimalRoundTrip(id.generation);
      if id.seqNo < 0 {
        assert !IsDecimalDigit(back[0]);
      } else {
        DecimalRoundTrip(id.seqNo);
      }
    }
  }

  /** What parses has exactly one separator, between two non-empty runs of digits. */
  lemma ParsedShape(s: string)
    requires Parse(s).Ok?
    ensures Parse(s).value.generation >= 0 && Parse(s).value.seqNo >= 0
    ensures exists i :: 0 < i < |s| - 1 && s[i] == '-' && forall k :: 0 <= k < |s| && k != i ==> IsDecimalDigit(s[k])
  {
    var i := CutAt(s);
    NonNegative(s[..i]);
    NonNegative(s[i + 1..]);
    forall k | 0 <= k < |s| && k != i ensures IsDecimalDigit(s[k]) {
      if k < i { assert s[k] == s[..i][k]; } else { assert s[k] == s[i + 1..][k - i - 1]; }
    }
    assert 0 < i < |s| - 1;
  }

  lemma {:induction false} NonNegative(s: string)
    requires forall i :: 0 <= i < |s| ==> IsDecimalDigit(s[i])
    ensures DecimalValue(s) >= 0
  {
    if s != [] { NonNegative(s[..|s| - 1]); }
  }
}
