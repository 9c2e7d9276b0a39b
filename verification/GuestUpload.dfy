/**
 * The deferred upload of the guest memory a frame fetches: ranges rounded to pages and
 * clipped to the mirror, sorted, merged, and copied one span at a time.
 */
module GuestUpload {

  type Byte = bv8

  /** Bytes first up to second; empty when second is not past first. */
  datatype Range = Range(first: nat, second: nat)

  const Page: nat := 0x1000

  predicate Contains(r: Range, k: int) {
    r.first <= k < r.second
  }

  function Rounded(r: Range, mirrorBytes: nat): Range {
    var up := r.second + Page - 1;
    var second := up - up % Page;
    Range(r.first - r.first % Page, if second < mirrorBytes then second else mirrorBytes)
  }

  function RoundedAll(ranges: seq<Range>, mirrorBytes: nat): seq<Range> {
    seq(|ranges|, i requires 0 <= i < |ranges| => Rounded(ranges[i], mirrorBytes))
  }

  predicate CoveredBy(ranges: seq<Range>, k: int) {
    exists i :: 0 <= i < |ranges| && Contains(ranges[i], k)
  }

  /** Rounding loses no byte that the mirror has. */
  lemma {:induction false} RoundingCovers(ranges: seq<Range>, mirrorBytes: nat, k: nat)
    requires CoveredBy(ranges, k) && k < mirrorBytes
    ensures CoveredBy(RoundedAll(ranges, mirrorBytes), k)
  {
    var i :| 0 <= i < |ranges| && Contains(ranges[i], k);
    assert Contains(RoundedAll(ranges, mirrorBytes)[i], k);
  }

  predicate SamePage(a: int, b: int) {
    a / 0x1000 == b / 0x1000
  }

  /** What rounds down to a page and up past it, in terms of the page's number. */
  lemma {:induction false} PageEdges(a: int, k: int)
    ensures a - a % Page <= k <==> a / Page <= k / Page
    ensures k < a + (Page - 1) - (a + (Page - 1)) % Page <==> k / Page <= (a - 1) / Page
  {}

  lemma {:induction false} PagesBetween(r: Range, k: nat)
    requires r.first < r.second && r.first / Page <= k / Page <= (r.second - 1) / Page
    ensures exists b: int :: Contains(r, b) && SamePage(k, b)
  {
    var b := if k < r.first then r.first else if k < r.second then k else r.second - 1;
    assert Contains(r, b) && SamePage(k, b);
  }

  /** Rounding a range takes the pages it touches and no other, as far as the mirror reaches. */
  lemma {:induction false} RoundedIsPagesTouched(r: Range, mirrorBytes: nat, k: nat)
    requires r.first < r.second
    ensures Contains(Rounded(r, mirrorBytes), k) <==>
              k < mirrorBytes && exists b: int :: Contains(r, b) && SamePage(k, b)
  {
    PageEdges(r.first, k);
    PageEdges(r.second, k);
    if Contains(Rounded(r, mirrorBytes), k) {
      PagesBetween(r, k);
    }
  }

  /** An empty range that does not start on a page still takes its whole page. */
  lemma {:induction false} EmptyRangeTakesAPage(first: nat, mirrorBytes: nat, k: nat)
    ensures Contains(Rounded(Range(first, first), mirrorBytes), k) <==>
              first % Page != 0 && k < mirrorBytes && SamePage(k, first)
  {}

  // ---------------------------------------------------------------- sorting

  /** `std::pair`'s order. */
  predicate Before(a: Range, b: Range) {
    a.first < b.first || (a.first == b.first && a.second <= b.second)
  }

  ghost predicate Ascending(s: seq<Range>) {
    forall i, j :: 0 <= i < j < |s| ==> Before(s[i], s[j])
  }

  function Insert(r: Range, s: seq<Range>): seq<Range> {
    if s == [] || Before(r, s[0]) then [r] + s else [s[0]] + Insert(r, s[1..])
  }

  function Sorted(s: seq<Range>): seq<Range> {
    if s == [] then [] else Insert(s[0], Sorted(s[1..]))
  }

  lemma {:induction false} InsertSorts(r: Range, s: seq<Range>)
    requires Ascending(s)
    ensures Ascending(Insert(r, s)) && multiset(Insert(r, s)) == multiset(s) + multiset{r}
    ensures |Insert(r, s)| == |s| + 1
  {
    if !(s == [] || Before(r, s[0])) {
      InsertSorts(r, s[1..]);
      assert s == [s[0]] + s[1..];
      var rest := Insert(r, s[1..]);
      forall j | 0 <= j < |rest|
        ensures Before(s[0], rest[j])
      {
        assert rest[j] in multiset(rest);
        assert rest[j] == r || rest[j] in s[1..];
      }
    }
  }

  lemma {:induction false} SortedSorts(s: seq<Range>)
    ensures Ascending(Sorted(s)) && multiset(Sorted(s)) == multiset(s) && |Sorted(s)| == |s|
  {
    if s != [] {
      SortedSorts(s[1..]);
      InsertSorts(s[0], Sorted(s[1..]));
      assert s == [s[0]] + s[1..];
    }
  }

  /** The order, in full: by where the ranges start, and then by where they end. */
  lemma {:induction false} SortedByBothEnds(s: seq<Range>, i: nat, j: nat)
    requires i < j < |s|
    ensures |Sorted(s)| == |s|
    ensures var (a, b) := (Sorted(s)[i], Sorted(s)[j]); a.first < b.first || (a.first == b.first && a.second <= b.second)
  {
    SortedSorts(s);
    assert Before(Sorted(s)[i], Sorted(s)[j]);
  }

  lemma {:induction false} SortingKeepsCover(s: seq<Range>, k: int)
    ensures CoveredBy(Sorted(s), k) <==> CoveredBy(s, k)
  {
    SortedSorts(s);
    if CoveredBy(s, k) {
      var i :| 0 <= i < |s| && Contains(s[i], k);
      assert s[i] in multiset(Sorted(s));
    }
    if CoveredBy(Sorted(s), k) {
      var i :| 0 <= i < |s| && Contains(Sorted(s)[i], k);
      assert Sorted(s)[i] in multiset(s);
    }
  }

  // ---------------------------------------------------------------- spans

  /** Nonempty, ascending, and never touching. */
  ghost predicate Separated(spans: seq<Range>) {
    && (forall i :: 0 <= i < |spans| ==> spans[i].first < spans[i].second)
    && (forall i, j :: 0 <= i < j < |spans| ==> spans[i].second < spans[j].first)
  }

  function Total(spans: seq<Range>): int {
    if spans == [] then 0
    else Total(spans[..|spans| - 1]) + spans[|spans| - 1].second - spans[|spans| - 1].first
  }

  function Points(ranges: seq<Range>, limit: nat): set<int> {
    set k: int | 0 <= k < limit && CoveredBy(ranges, k)
  }

  function Interval(r: Range): set<int> {
    set k: int | r.first <= k < r.second && Contains(r, k)
  }

  lemma {:induction false} IntervalStep(r: Range)
    requires r.first < r.second
    ensures Interval(r) == {r.first} + Interval(Range(r.first + 1, r.second))
  {
    var rest := Range(r.first + 1, r.second);
    forall k: int
      ensures k in Interval(r) <==> k == r.first || k in Interval(rest)
    {
      assert k in Interval(r) <==> Contains(r, k);
      assert k in Interval(rest) <==> Contains(rest, k);
    }
  }

  lemma {:induction false} IntervalSize(r: Range)
    requires r.first <= r.second
    ensures |Interval(r)| == r.second - r.first
    decreases r.second - r.first
  {
    if r.first < r.second {
      IntervalSize(Range(r.first + 1, r.second));
      IntervalStep(r);
    } else {
      assert Interval(r) == {};
    }
  }

  lemma {:induction false} PointsSnoc(before: seq<Range>, last: Range, limit: nat)
    requires last.second <= limit
    ensures Points(before + [last], limit) == Points(before, limit) + Interval(last)
  {
    forall k: int
      ensures k in Points(before + [last], limit) <==> k in Points(before, limit) || k in Interval(last)
    {
      CoveredSnoc(before, last, k);
      assert k in Interval(last) <==> Contains(last, k);
    }
  }

  lemma {:induction false} LastApart(before: seq<Range>, last: Range, limit: nat)
    requires Separated(before + [last])
    ensures Points(before, limit) !! Interval(last)
  {
    forall k | k in Points(before, limit)
      ensures k !in Interval(last)
    {
      var i :| 0 <= i < |before| && Contains(before[i], k);
      assert (before + [last])[i] == before[i] && (before + [last])[|before|] == last;
    }
  }

  /** Separated spans hold as many bytes as their lengths add up to. */
  lemma {:induction false} TotalCountsPoints(spans: seq<Range>, limit: nat)
    requires Separated(spans) && forall i :: 0 <= i < |spans| ==> spans[i].second <= limit
    ensures Total(spans) == |Points(spans, limit)|
  {
    if spans == [] {
      assert Points(spans, limit) == {};
    } else {
      var n := |spans| - 1;
      var before, last := spans[..n], spans[n];
      assert spans == before + [last];
      TotalCountsPoints(before, limit);
      IntervalSize(last);
      PointsSnoc(before, last, limit);
      LastApart(before, last, limit);
    }
  }

  lemma {:induction false} CoveredSnoc(ranges: seq<Range>, r: Range, k: int)
    ensures CoveredBy(ranges + [r], k) <==> CoveredBy(ranges, k) || Contains(r, k)
  {
    var more := ranges + [r];
    if CoveredBy(ranges, k) {
      var i :| 0 <= i < |ranges| && Contains(ranges[i], k);
      assert Contains(more[i], k);
    }
    assert more[|ranges|] == r;
  }

  lemma {:induction false} CoveredOne(r: Range)
    ensures forall k :: CoveredBy([r], k) <==> Contains(r, k)
  {
    forall k
      ensures CoveredBy([r], k) <==> Contains(r, k)
    {
      CoveredSnoc([], r, k);
      assert [] + [r] == [r];
    }
  }

  // ---------------------------------------------------------------- the loops

  method RoundRanges(fetchRanges: array<Range>, mirrorBytes: nat)
    modifies fetchRanges
    ensures fetchRanges[..] == RoundedAll(old(fetchRanges[..]), mirrorBytes)
  {
    for i := 0 to fetchRanges.Length
      invariant forall k :: 0 <= k < i ==> fetchRanges[k] == Rounded(old(fetchRanges[k]), mirrorBytes)
      invariant forall k :: i <= k < fetchRanges.Length ==> fetchRanges[k] == old(fetchRanges[k])
    {
      var r := fetchRanges[i];
      var first := r.first - r.first % Page;
      var second := r.second + Page - 1;
      second := second - second % Page;
      fetchRanges[i] := Range(first, if second < mirrorBytes then second else mirrorBytes);
    }
  }

  method Sort(fetchRanges: array<Range>)
    modifies fetchRanges
    ensures fetchRanges[..] == Sorted(old(fetchRanges[..]))
  {
    var sorted := Sorted(fetchRanges[..]);
    SortedSorts(fetchRanges[..]);
    forall i | 0 <= i < fetchRanges.Length {
      fetchRanges[i] := sorted[i];
    }
  }

  function Joined(run: Range, next: Range): Range {
    Range(run.first, if run.second < next.second then next.second else run.second)
  }

  /** A range that starts inside a run, or at its end, lengthens it. */
  lemma {:induction false} JoinedCovers(ranges: seq<Range>, i: nat, j: nat, run: Range)
    requires i < j < |ranges| && run.first <= ranges[j].first <= run.second
    requires forall k :: Contains(run, k) <==> CoveredBy(ranges[i..j], k)
    ensures forall k :: Contains(Joined(run, ranges[j]), k) <==> CoveredBy(ranges[i..j + 1], k)
  {
    assert ranges[i..j + 1] == ranges[i..j] + [ranges[j]];
    forall k
      ensures Contains(Joined(run, ranges[j]), k) <==> CoveredBy(ranges[i..j + 1], k)
    {
      CoveredSnoc(ranges[i..j], ranges[j], k);
      assert Contains(run, k) <==> CoveredBy(ranges[i..j], k);
    }
  }

  /** The run of ranges that starts at i and reaches without a gap up to j. */
  method MergeRun(ranges: seq<Range>, i: nat) returns (run: Range, j: nat)
    requires Ascending(ranges) && i < |ranges|
    ensures i < j <= |ranges|
    ensures run.first == ranges[i].first
    ensures forall k :: Contains(run, k) <==> CoveredBy(ranges[i..j], k)
    ensures j < |ranges| ==> run.second < ranges[j].first
  {
    CoveredOne(ranges[i]);
    run := ranges[i];
    j := i + 1;
    assert ranges[i..j] == [ranges[i]];
    while j < |ranges| && ranges[j].first <= run.second
      invariant i < j <= |ranges|
      invariant run.first == ranges[i].first
      invariant forall k :: Contains(run, k) <==> CoveredBy(ranges[i..j], k)
    {
      assert Before(ranges[i], ranges[j]);
      JoinedCovers(ranges, i, j, run);
      run := Joined(run, ranges[j]);
      j := j + 1;
    }
  }

  lemma {:induction false} CoveredSplit(ranges: seq<Range>, i: nat, j: nat, k: int)
    requires i <= j <= |ranges|
    ensures CoveredBy(ranges[..j], k) <==> CoveredBy(ranges[..i], k) || CoveredBy(ranges[i..j], k)
  {
    if CoveredBy(ranges[..j], k) {
      var m :| 0 <= m < j && Contains(ranges[..j][m], k);
      if m < i {
        assert Contains(ranges[..i][m], k);
      } else {
        assert Contains(ranges[i..j][m - i], k);
      }
    }
    if CoveredBy(ranges[..i], k) {
      var m :| 0 <= m < i && Contains(ranges[..i][m], k);
      assert Contains(ranges[..j][m], k);
    }
    if CoveredBy(ranges[i..j], k) {
      var m :| 0 <= m < j - i && Contains(ranges[i..j][m], k);
      assert Contains(ranges[..j][m + i], k);
    }
  }

  /** Spans that cover exactly the first n of the sorted ranges, and stop short of the next. */
  ghost predicate SpansOf(spans: seq<Range>, ranges: seq<Range>, n: nat) {
    && n <= |ranges|
    && Separated(spans)
    && (forall k :: CoveredBy(spans, k) <==> CoveredBy(ranges[..n], k))
    && (n < |ranges| ==> forall i :: 0 <= i < |spans| ==> spans[i].second < ranges[n].first)
  }

  lemma {:induction false} SpansGrow(spans: seq<Range>, ranges: seq<Range>, i: nat, run: Range, j: nat)
    requires Ascending(ranges) && SpansOf(spans, ranges, i) && i < j <= |ranges|
    requires run.first == ranges[i].first
    requires forall k :: Contains(run, k) <==> CoveredBy(ranges[i..j], k)
    requires j < |ranges| ==> run.second < ranges[j].first
    ensures SpansOf(if run.second > run.first then spans + [run] else spans, ranges, j)
  {
    var spans' := if run.second > run.first then spans + [run] else spans;
    forall k
      ensures CoveredBy(spans', k) <==> CoveredBy(ranges[..j], k)
    {
      CoveredSplit(ranges, i, j, k);
      CoveredSnoc(spans, run, k);
    }
    if j < |ranges| {
      assert Before(ranges[i], ranges[j]);
    }
  }

  ghost predicate ClippedTo(ranges: seq<Range>, limit: nat) {
    forall i :: 0 <= i < |ranges| ==> ranges[i].second <= limit
  }

  /** Every covered byte holds the guest's, every other byte what it held. */
  ghost predicate Copied(spans: seq<Range>, guest: seq<Byte>, was: seq<Byte>, now: seq<Byte>) {
    && |now| == |was|
    && (forall k :: 0 <= k < |now| && CoveredBy(spans, k) ==> k < |guest| && now[k] == guest[k])
    && (forall k :: 0 <= k < |now| && !CoveredBy(spans, k) ==> now[k] == was[k])
  }

  method CopySpan(mirror: array<Byte>, guest: seq<Byte>, span: Range)
    requires span.first <= span.second <= mirror.Length && span.second <= |guest|
    modifies mirror
    ensures Copied([span], guest, old(mirror[..]), mirror[..])
  {
    CoveredOne(span);
    forall k | span.first <= k < span.second {
      mirror[k] := guest[k];
    }
  }

  lemma {:induction false} CopiedSnoc(spans: seq<Range>, run: Range, guest: seq<Byte>, was: seq<Byte>,
                                      before: seq<Byte>, now: seq<Byte>)
    requires Copied(spans, guest, was, before) && Copied([run], guest, before, now)
    ensures Copied(spans + [run], guest, was, now)
  {
    CoveredOne(run);
    forall k
      ensures CoveredBy(spans + [run], k) <==> CoveredBy(spans, k) || Contains(run, k)
    {
      CoveredSnoc(spans, run, k);
    }
  }

  lemma {:induction false} TotalSnoc(spans: seq<Range>, run: Range)
    ensures Total(spans + [run]) == Total(spans) + run.second - run.first
  {
    assert (spans + [run])[..|spans|] == spans;
  }

  /** Spans copied so far: they cover the first n ranges, inside the mirror, and nothing else has changed. */
  ghost predicate CopiedUpTo(ranges: seq<Range>, n: nat, spans: seq<Range>, guest: seq<Byte>, mirrorBytes: nat,
                             was: seq<Byte>, now: seq<Byte>)
  {
    SpansOf(spans, ranges, n) && ClippedTo(spans, mirrorBytes) && Copied(spans, guest, was, now)
  }

  /** One turn of the outer loop: the next run of ranges, copied if it holds anything. */
  method CopyRun(ranges: seq<Range>, i: nat, guest: seq<Byte>, mirror: array<Byte>, mirrorBytes: nat,
                 spans: seq<Range>, ghost was: seq<Byte>)
    returns (spans': seq<Range>, bytes: nat, j: nat)
    requires Ascending(ranges) && mirrorBytes <= |guest| && mirrorBytes <= mirror.Length
    requires ClippedTo(ranges, mirrorBytes) && i < |ranges|
    requires CopiedUpTo(ranges, i, spans, guest, mirrorBytes, was, mirror[..])
    modifies mirror
    ensures i < j <= |ranges| && Total(spans') == Total(spans) + bytes
    ensures CopiedUpTo(ranges, j, spans', guest, mirrorBytes, was, mirror[..])
  {
    var run;
    run, j := MergeRun(ranges, i);
    SpansGrow(spans, ranges, i, run, j);
    if run.second <= run.first {
      return spans, 0, j;
    }
    RunInside(ranges, i, j, run, mirrorBytes);
    ghost var before := mirror[..];
    CopySpan(mirror, guest, run);
    CopiedSnoc(spans, run, guest, was, before, mirror[..]);
    TotalSnoc(spans, run);
    return spans + [run], run.second - run.first, j;
  }

  method CopySpans(ranges: seq<Range>, guest: seq<Byte>, mirror: array<Byte>, mirrorBytes: nat)
    returns (uploadedBytes: nat, spans: seq<Range>)
    requires Ascending(ranges) && mirrorBytes <= |guest| && mirrorBytes <= mirror.Length
    requires ClippedTo(ranges, mirrorBytes)
    modifies mirror
    ensures CopiedUpTo(ranges, |ranges|, spans, guest, mirrorBytes, old(mirror[..]), mirror[..])
    ensures uploadedBytes == Total(spans)
  {
    uploadedBytes, spans := 0, [];
    var i := 0;
    while i < |ranges|
      invariant i <= |ranges| && uploadedBytes == Total(spans)
      invariant CopiedUpTo(ranges, i, spans, guest, mirrorBytes, old(mirror[..]), mirror[..])
      decreases |ranges| - i
    {
      var bytes: nat;
      spans, bytes, i := CopyRun(ranges, i, guest, mirror, mirrorBytes, spans, old(mirror[..]));
      uploadedBytes := uploadedBytes + bytes;
    }
  }

  lemma {:induction false} RunInside(ranges: seq<Range>, i: nat, j: nat, run: Range, mirrorBytes: nat)
    requires i < j <= |ranges| && run.first < run.second
    requires forall k :: Contains(run, k) <==> CoveredBy(ranges[i..j], k)
    requires ClippedTo(ranges, mirrorBytes)
    ensures run.second <= mirrorBytes
  {
    assert Contains(run, run.second - 1);
    var m :| 0 <= m < j - i && Contains(ranges[i..j][m], run.second - 1);
    assert ranges[i..j][m] == ranges[i + m];
  }

  /** What an upload of the asked ranges leaves behind. */
  ghost predicate Uploaded(asked: seq<Range>, guest: seq<Byte>, mirrorBytes: nat,
                           was: seq<Byte>, now: seq<Byte>, spans: seq<Range>, uploadedBytes: int)
  {
    var rounded := RoundedAll(asked, mirrorBytes);
    && mirrorBytes <= |guest| && mirrorBytes <= |now| == |was|
    && Separated(spans)
    && (forall k :: CoveredBy(spans, k) <==> CoveredBy(rounded, k))
    && uploadedBytes == |Points(rounded, mirrorBytes)|
    && (forall k :: 0 <= k < mirrorBytes && CoveredBy(rounded, k) ==> now[k] == guest[k])
    && (forall k :: 0 <= k < |now| && !CoveredBy(rounded, k) ==> now[k] == was[k])
    && (forall k :: 0 <= k < mirrorBytes && CoveredBy(asked, k) ==> now[k] == guest[k])
  }

  /**
   * The whole upload. The spans copied are ascending and never touch, and cover exactly the union of
   * the page-rounded, clipped ranges; the byte count is that union's size; the mirror agrees with
   * guest memory on the union and is unchanged elsewhere.
   */
  method Upload(fetchRanges: array<Range>, guest: seq<Byte>, mirror: array<Byte>, mirrorBytes: nat)
    returns (uploadedBytes: nat, spans: seq<Range>)
    requires mirrorBytes <= |guest| && mirrorBytes <= mirror.Length
    requires (fetchRanges as object) != (mirror as object)
    modifies fetchRanges, mirror
    ensures Uploaded(old(fetchRanges[..]), guest, mirrorBytes, old(mirror[..]), mirror[..], spans, uploadedBytes)
  {
    ghost var asked, was := fetchRanges[..], mirror[..];
    RoundRanges(fetchRanges, mirrorBytes);
    Sort(fetchRanges);
    var ranges := fetchRanges[..];
    SortedSorts(RoundedAll(asked, mirrorBytes));
    SortedStaysClipped(asked, mirrorBytes);
    uploadedBytes, spans := CopySpans(ranges, guest, mirror, mirrorBytes);
    CopiedIsUploaded(asked, guest, mirrorBytes, was, mirror[..], spans);
  }

  lemma {:induction false} CopiedIsUploaded(asked: seq<Range>, guest: seq<Byte>, mirrorBytes: nat,
                                            was: seq<Byte>, now: seq<Byte>, spans: seq<Range>)
    requires mirrorBytes <= |guest| && mirrorBytes <= |now| == |was|
    requires SpansOf(spans, Sorted(RoundedAll(asked, mirrorBytes)), |asked|)
    requires ClippedTo(spans, mirrorBytes)
    requires Copied(spans, guest, was, now)
    ensures Uploaded(asked, guest, mirrorBytes, was, now, spans, Total(spans))
  {
    SpansCover(spans, RoundedAll(asked, mirrorBytes), mirrorBytes);
    FetchedIsCovered(asked, mirrorBytes);
  }

  lemma {:induction false} SortedStaysClipped(asked: seq<Range>, mirrorBytes: nat)
    ensures ClippedTo(Sorted(RoundedAll(asked, mirrorBytes)), mirrorBytes)
  {
    var rounded := RoundedAll(asked, mirrorBytes);
    SortedSorts(rounded);
    forall i | 0 <= i < |Sorted(rounded)|
      ensures Sorted(rounded)[i].second <= mirrorBytes
    {
      assert Sorted(rounded)[i] in multiset(Sorted(rounded));
      assert Sorted(rounded)[i] in rounded;
    }
  }

  lemma {:induction false} SpansCover(spans: seq<Range>, rounded: seq<Range>, mirrorBytes: nat)
    requires SpansOf(spans, Sorted(rounded), |rounded|)
    requires ClippedTo(spans, mirrorBytes)
    ensures forall k :: CoveredBy(spans, k) <==> CoveredBy(rounded, k)
    ensures Total(spans) == |Points(rounded, mirrorBytes)|
  {
    SortedSorts(rounded);
    assert Sorted(rounded)[..|rounded|] == Sorted(rounded);
    forall k
      ensures CoveredBy(spans, k) <==> CoveredBy(rounded, k)
    {
      SortingKeepsCover(rounded, k);
    }
    TotalCountsPoints(spans, mirrorBytes);
    assert Points(spans, mirrorBytes) == Points(rounded, mirrorBytes);
  }

  lemma {:induction false} FetchedIsCovered(asked: seq<Range>, mirrorBytes: nat)
    ensures forall k :: 0 <= k < mirrorBytes && CoveredBy(asked, k) ==>
              CoveredBy(RoundedAll(asked, mirrorBytes), k)
  {
    forall k | 0 <= k < mirrorBytes && CoveredBy(asked, k)
      ensures CoveredBy(RoundedAll(asked, mirrorBytes), k)
    {
      RoundingCovers(asked, mirrorBytes, k);
    }
  }
}
